/** The per-IP abuse detector (src/middleware/ddosProtection.js): a map from
    client key to a traffic record that every request updates, and the
    periodic sweep that prunes it.  The clock is a parameter `now` (ms). */
module Ddos {
  import opened Wrappers
  import opened Js

  const BlockDurationMs := 15 * 60 * 1000
  const WindowMs := 1000
  const ThresholdPerSecond := 10
  const SustainDurationMs := 30 * 1000
  /** The bucket list is cut back to this many entries when it grows. */
  const MaxBuckets := 40
  /** The sweep keeps buckets at most this old. */
  const SweepHorizonMs := 60 * 1000

  /** One 1-second bucket: its start time and the requests counted in it. */
  datatype Bucket = Bucket(start: int, count: nat)

  /** An entry of the block history. */
  datatype BlockEntry = BlockEntry(at: int, durationMs: nat)

  /** The record kept for one client. `blockedUntil` 0 means "not blocked";
      `firstAggressiveAt` null is None. */
  datatype Record = Record(blockedUntil: int, windows: seq<Bucket>, firstAggressiveAt: Option<int>,
                           blockHistory: seq<BlockEntry>, strikes: nat)

  /** The record a first request from a client creates. */
  const Fresh := Record(0, [], None, [], 0)

  /** What the middleware does with a request. */
  datatype Reply =
    | Bypassed                                  // test bypass: next() without accounting
    | Rejected(remainingMs: int, remainingMin: int)  // 429 while a block is active
    | Blocking(blockMs: nat, strikes: nat)      // 429 that imposes a new block
    | Passed                                    // next()

  /** The client key: `req.ip || req.connection?.remoteAddress || 'unknown'`. */
  function ClientKey(ip: Option<string>, remoteAddress: Option<string>): (k: string)
    ensures k != ""
    ensures ip.Some? && ip.value != "" ==> k == ip.value
  {
    if ip.Some? && ip.value != "" then ip.value
    else if remoteAddress.Some? && remoteAddress.value != "" then remoteAddress.value
    else "unknown"
  }

  /** `process.env.NODE_ENV !== 'production' && header === 'true'`. */
  predicate TestBypass(production: bool, header: Option<string>) {
    !production && header == Some("true")
  }

  /** JavaScript truthiness of `firstAggressiveAt` (null and 0 are falsy). */
  predicate IsSet(t: Option<int>) {
    t.Some? && t.value != 0
  }

  /** `record.blockedUntil && now < record.blockedUntil` */
  predicate BlockedAt(rec: Record, now: int) {
    rec.blockedUntil != 0 && now < rec.blockedUntil
  }

  /** `Math.floor(now / WINDOW_MS) * WINDOW_MS` */
  function WindowStart(now: int): (s: int)
    ensures s <= now < s + WindowMs
    ensures s % WindowMs == 0
  {
    (now / WindowMs) * WindowMs
  }

  /** `Math.floor(BLOCK_DURATION_MS * Math.min(1 + strikes * 0.5, 3))`,
      computed exactly in integers. */
  function BlockMs(strikes: nat): nat {
    Min(450000 * (2 + strikes), 3 * BlockDurationMs)
  }

  function Last(ws: seq<Bucket>): Bucket
    requires ws != []
  {
    ws[|ws| - 1]
  }

  /** The newest MaxBuckets buckets: what `while (length > 40) shift()` leaves. */
  function KeepNewest(ws: seq<Bucket>): (r: seq<Bucket>)
    ensures |r| == (if |ws| <= MaxBuckets then |ws| else MaxBuckets)
  {
    if |ws| <= MaxBuckets then ws else ws[|ws| - MaxBuckets..]
  }

  /** The buckets kept are the newest ones, in their order. */
  lemma KeepNewestSuffix(ws: seq<Bucket>)
    ensures KeepNewest(ws) == ws[|ws| - |KeepNewest(ws)|..]
  {
  }

  /** The bucket list after counting a request at `now`: a new bucket is
      pushed (and the list cut back) unless the last bucket is the current
      one; then the last bucket's count goes up by one. */
  function CountRequest(ws: seq<Bucket>, now: int): (r: seq<Bucket>)
    ensures r != [] && Last(r).start == WindowStart(now)
  {
    var cws := WindowStart(now);
    var w := if ws == [] || Last(ws).start != cws then KeepNewest(ws + [Bucket(cws, 0)]) else ws;
    w[..|w| - 1] + [Bucket(cws, Last(w).count + 1)]
  }

  /** One request of a known client, as the middleware handles it after the
      bypass test: the new record and the reply. */
  function Step(rec: Record, now: int): (Record, Reply) {
    if BlockedAt(rec, now) then
      var remainingMs := rec.blockedUntil - now;
      (rec, Rejected(remainingMs, CeilDiv(remainingMs, 60000)))
    else
      var ws := CountRequest(rec.windows, now);
      var aggressive := Last(ws).count > ThresholdPerSecond;
      var first := if !aggressive then None else if IsSet(rec.firstAggressiveAt) then rec.firstAggressiveAt else Some(now);
      if IsSet(first) && now - first.value >= SustainDurationMs then
        var ms := BlockMs(rec.strikes);
        (Record(now + ms, ws, first, rec.blockHistory + [BlockEntry(now, ms)], rec.strikes + 1),
         Blocking(ms, rec.strikes + 1))
      else
        (Record(rec.blockedUntil, ws, first, rec.blockHistory, rec.strikes), Passed)
  }

  /** ddosProtection on the whole map. */
  function Request(stats: map<string, Record>, production: bool, key: string, bypassHeader: Option<string>,
                   now: int): (map<string, Record>, Reply)
  {
    if TestBypass(production, bypassHeader) then (stats, Bypassed)
    else
      var rec := if key in stats then stats[key] else Fresh;
      var (after, reply) := Step(rec, now);
      (stats[key := after], reply)
  }

  /** Without the bypass, a request stores the record its step leaves and
      answers with the step's reply. */
  lemma RequestSteps(stats: map<string, Record>, production: bool, key: string, bypassHeader: Option<string>,
                     now: int)
    requires !TestBypass(production, bypassHeader)
    ensures var rec := if key in stats then stats[key] else Fresh;
            Request(stats, production, key, bypassHeader, now) == (stats[key := Step(rec, now).0], Step(rec, now).1)
  {
  }

  /** `windows.filter(w => now - w.start <= 60 * 1000)` */
  function Recent(ws: seq<Bucket>, now: int): (r: seq<Bucket>)
    ensures |r| <= |ws|
    ensures forall b :: b in r <==> b in ws && now - b.start <= SweepHorizonMs
  {
    if ws == [] then []
    else
      var rest := Recent(ws[..|ws| - 1], now);
      if now - Last(ws).start <= SweepHorizonMs then rest + [Last(ws)] else rest
  }

  /** The sweep's test for dropping a record (after its windows are pruned). */
  predicate Idle(rec: Record) {
    rec.blockedUntil == 0 && rec.windows == [] && rec.strikes == 0
  }

  function Pruned(rec: Record, now: int): Record {
    rec.(windows := Recent(rec.windows, now))
  }

  /** The body of the `setInterval` sweep on the whole map. */
  function Sweep(stats: map<string, Record>, now: int): map<string, Record> {
    map k | k in stats && !Idle(Pruned(stats[k], now)) :: Pruned(stats[k], now)
  }

  /** The bucket accounting of ddosProtection on a record's list: push a
      bucket for the current second unless the last one is it, shift the
      oldest out while more than MaxBuckets remain, then count the request. */
  method CountInto(ws: seq<Bucket>, now: int) returns (windows: seq<Bucket>)
    ensures windows == CountRequest(ws, now)
  {
    var currentWindowStart := (now / WindowMs) * WindowMs;
    windows := ws;
    if windows == [] || windows[|windows| - 1].start != currentWindowStart {
      windows := windows + [Bucket(currentWindowStart, 0)];
      ghost var pushed := windows;
      while |windows| > MaxBuckets
        invariant |windows| <= |pushed| && windows == pushed[|pushed| - |windows|..]
        invariant |pushed| > MaxBuckets ==> |windows| >= MaxBuckets
        invariant |pushed| <= MaxBuckets ==> windows == pushed
      {
        windows := windows[1..];
      }
      assert windows == KeepNewest(pushed);
    }
    var last := windows[|windows| - 1];
    windows := windows[..|windows| - 1] + [last.(count := last.count + 1)];
  }

  /** The middleware's work on the client's record object, which it
      mutates in place: refuse while blocked, else count the request, track
      the aggressive streak and impose a block once it has lasted 30 s. */
  method Account(record: Record, now: int) returns (after: Record, reply: Reply)
    ensures (after, reply) == Step(record, now)
  {
    after := record;
    if after.blockedUntil != 0 && now < after.blockedUntil {
      var remainingMs := after.blockedUntil - now;
      return after, Rejected(remainingMs, CeilDiv(remainingMs, 60000));
    }
    var windows := CountInto(after.windows, now);
    var first := after.firstAggressiveAt;
    if windows[|windows| - 1].count > ThresholdPerSecond {
      if !IsSet(first) {
        first := Some(now);
      }
    } else {
      first := None;
    }
    after := after.(windows := windows, firstAggressiveAt := first);
    if IsSet(first) && now - first.value >= SustainDurationMs {
      var blockMs := BlockMs(after.strikes);
      after := after.(blockedUntil := now + blockMs, blockHistory := after.blockHistory + [BlockEntry(now, blockMs)],
                      strikes := after.strikes + 1);
      return after, Blocking(blockMs, after.strikes);
    }
    reply := Passed;
  }

  /** The detector's state: the module-level `ipStats` map and the
      deployment mode. */
  class Guard {
    var ipStats: map<string, Record>
    const production: bool

    constructor(production: bool)
      ensures ipStats == map[] && this.production == production
    {
      ipStats := map[];
      this.production := production;
    }

    /** ddosProtection: update (or create) the client's record and decide. */
    method Handle(key: string, bypassHeader: Option<string>, now: int) returns (reply: Reply)
      modifies this
      ensures (ipStats, reply) == Request(old(ipStats), production, key, bypassHeader, now)
    {
      if !production && bypassHeader == Some("true") {
        return Bypassed;
      }
      var record := if key in ipStats then ipStats[key] else Fresh;
      RequestSteps(ipStats, production, key, bypassHeader, now);
      record, reply := Account(record, now);
      ipStats := ipStats[key := record];
    }

    /** The `setInterval` body: prune every record's windows, then drop the
        idle ones. */
    method SweepAll(now: int)
      modifies this
      ensures ipStats == Sweep(old(ipStats), now)
    {
      var pending := ipStats.Keys;
      ghost var before := ipStats;
      while pending != {}
        invariant pending <= before.Keys
        invariant forall k :: k in pending ==> k in ipStats && ipStats[k] == before[k]
        invariant forall k :: k in ipStats ==> k in before
        invariant forall k :: k in before && k !in pending ==>
                    (k in ipStats <==> !Idle(Pruned(before[k], now))) &&
                    (k in ipStats ==> ipStats[k] == Pruned(before[k], now))
        decreases pending
      {
        var k :| k in pending;
        var rec := ipStats[k];
        rec := rec.(windows := Recent(rec.windows, now));
        if rec.blockedUntil == 0 && rec.windows == [] && rec.strikes == 0 {
          ipStats := ipStats - {k};
        } else {
          ipStats := ipStats[k := rec];
        }
        pending := pending - {k};
      }
      assert ipStats.Keys == Sweep(before, now).Keys;
    }
  }

  // -----------------------------------------------------------------------
  // Properties of one request
  // -----------------------------------------------------------------------

  /** The bypass header outside production creates and changes no record. */
  lemma BypassChangesNothing(stats: map<string, Record>, key: string, now: int)
    ensures Request(stats, false, key, Some("true"), now) == (stats, Bypassed)
  {
  }

  /** A blocked client is rejected with the time left, rounded up to whole
      minutes, and its record is left exactly as it was. */
  lemma BlockedRequestRejected(stats: map<string, Record>, production: bool, key: string,
                               header: Option<string>, now: int)
    requires !TestBypass(production, header)
    requires key in stats && BlockedAt(stats[key], now)
    ensures var ms := stats[key].blockedUntil - now;
            Request(stats, production, key, header, now) == (stats, Rejected(ms, CeilDiv(ms, 60000)))
    ensures Request(stats, production, key, header, now).1.remainingMs > 0
    ensures Request(stats, production, key, header, now).1.remainingMin >= 1
  {
    assert stats[key := stats[key]] == stats;
  }

  /** A request that is not rejected counts itself in the bucket of `now`:
      a bucket is pushed exactly when the last one is not the current one
      (the list then grows by one unless it was already full), otherwise
      the list keeps its length; the current bucket's count goes up by one. */
  lemma CountRequestBuckets(ws: seq<Bucket>, now: int)
    ensures var r := CountRequest(ws, now);
            var cws := WindowStart(now);
            var newBucket := ws == [] || Last(ws).start != cws;
            (newBucket ==> Last(r).count == 1 && |r| == Min(|ws| + 1, MaxBuckets)) &&
            (!newBucket ==> Last(r).count == Last(ws).count + 1 && |r| == |ws|) &&
            (|ws| <= MaxBuckets ==> |r| <= MaxBuckets) &&
            r[..|r| - 1] == (if newBucket then KeepNewest(ws + [Bucket(cws, 0)]) else ws)[..|r| - 1]
  {
  }

  /** After a request that is not rejected, `firstAggressiveAt` is set
      exactly when the current bucket holds more than ten requests, and a
      value already set is kept while that lasts. */
  lemma AggressionTracked(rec: Record, now: int)
    requires !BlockedAt(rec, now) && now != 0
    ensures var after := Step(rec, now).0;
            (IsSet(after.firstAggressiveAt) <==> Last(after.windows).count > ThresholdPerSecond) &&
            (IsSet(after.firstAggressiveAt) && IsSet(rec.firstAggressiveAt) ==>
               after.firstAggressiveAt == rec.firstAggressiveAt)
  {
  }

  /** A new block lasts 15 min times min(1 + strikes/2, 3), i.e. 15 to 45
      minutes, counted from now with the strikes before the block; it adds
      exactly one strike and one history entry. */
  lemma BlockShape(rec: Record, now: int)
    requires Step(rec, now).1.Blocking?
    ensures var (after, reply) := Step(rec, now);
            var ms := reply.blockMs;
            ms == BlockMs(rec.strikes) && 2 * ms == BlockDurationMs * Min(2 + rec.strikes, 6) &&
            BlockDurationMs <= ms <= 3 * BlockDurationMs &&
            after.blockedUntil == now + ms && after.strikes == rec.strikes + 1 &&
            reply.strikes == after.strikes &&
            after.blockHistory == rec.blockHistory + [BlockEntry(now, ms)]
  {
  }

  /** strikes and the block history never shrink, whatever the request. */
  lemma StepMonotone(rec: Record, now: int)
    ensures var after := Step(rec, now).0;
            after.strikes >= rec.strikes && |after.blockHistory| >= |rec.blockHistory| &&
            after.blockHistory[..|rec.blockHistory|] == rec.blockHistory
  {
  }

  /** The sweep keeps exactly the buckets at most 60 s old, deletes exactly
      the idle records, and leaves strikes and block history alone. */
  lemma SweepShape(stats: map<string, Record>, now: int, k: string)
    requires k in stats
    ensures var after := Sweep(stats, now);
            (k !in after <==> stats[k].blockedUntil == 0 && stats[k].strikes == 0 &&
                              forall b :: b in stats[k].windows ==> now - b.start > SweepHorizonMs) &&
            (k in after ==> after[k].strikes == stats[k].strikes &&
                            after[k].blockHistory == stats[k].blockHistory &&
                            forall b :: b in after[k].windows <==> b in stats[k].windows && now - b.start <= SweepHorizonMs)
  {
    var r := Recent(stats[k].windows, now);
    if r != [] {
      assert r[0] in r;
    }
  }

  // -----------------------------------------------------------------------
  // Why the block branch cannot be taken
  // -----------------------------------------------------------------------

  /** Bucket starts are whole seconds and strictly increase along the list. */
  predicate Ascending(ws: seq<Bucket>) {
    (forall i :: 0 <= i < |ws| ==> ws[i].start % WindowMs == 0) &&
    (forall i, j :: 0 <= i < j < |ws| ==> ws[i].start < ws[j].start)
  }

  /** A set `firstAggressiveAt` lies in the second of the newest bucket. */
  predicate StreakInLastBucket(rec: Record) {
    IsSet(rec.firstAggressiveAt) && rec.windows != [] ==>
      WindowStart(rec.firstAggressiveAt.value) == Last(rec.windows).start
  }

  predicate Tidy(rec: Record) {
    Ascending(rec.windows) && StreakInLastBucket(rec)
  }

  lemma LastOfKeepNewest(ws: seq<Bucket>)
    requires ws != []
    ensures KeepNewest(ws) != [] && Last(KeepNewest(ws)) == Last(ws)
  {
  }

  /** The first request of a new second always counts 1 and so is calm. */
  lemma NewBucketStartsAtOne(ws: seq<Bucket>, now: int)
    requires ws == [] || Last(ws).start != WindowStart(now)
    ensures Last(CountRequest(ws, now)).count == 1
  {
    LastOfKeepNewest(ws + [Bucket(WindowStart(now), 0)]);
  }

  /** As written, a request is never answered with a new block when the
      record is tidy: an aggressive request is never the first of its
      second, so a kept `firstAggressiveAt` lies in the current second and
      `now - firstAggressiveAt` is below 1000, never 30000. */
  lemma StepNeverBlocks(rec: Record, now: int)
    requires StreakInLastBucket(rec)
    ensures !Step(rec, now).1.Blocking?
    ensures var after := Step(rec, now).0;
            !BlockedAt(rec, now) && IsSet(after.firstAggressiveAt) ==>
              -WindowMs < now - after.firstAggressiveAt.value < WindowMs
  {
    if !BlockedAt(rec, now) {
      var cws := WindowStart(now);
      if rec.windows == [] || Last(rec.windows).start != cws {
        NewBucketStartsAtOne(rec.windows, now);
      }
    }
  }

  lemma AscendingStartBelow(ws: seq<Bucket>, now: int)
    requires Ascending(ws) && ws != [] && Last(ws).start <= now
    ensures Last(ws).start <= WindowStart(now)
  {
    var s := Last(ws).start;
    assert s % WindowMs == 0;
    assert s == (s / WindowMs) * WindowMs;
    assert s / WindowMs <= now / WindowMs;
  }

  lemma KeepNewestAscending(ws: seq<Bucket>)
    requires Ascending(ws)
    ensures Ascending(KeepNewest(ws))
  {
  }

  /** Raising the newest bucket's count keeps the list ascending. */
  lemma BumpAscending(w: seq<Bucket>, cws: int)
    requires Ascending(w) && w != [] && Last(w).start == cws
    ensures Ascending(w[..|w| - 1] + [Bucket(cws, Last(w).count + 1)])
  {
    var r := w[..|w| - 1] + [Bucket(cws, Last(w).count + 1)];
    assert forall i :: 0 <= i < |r| ==> r[i].start == w[i].start;
  }

  /** Counting a request at a time no earlier than the newest bucket keeps
      the list ascending. */
  lemma CountRequestAscending(ws: seq<Bucket>, now: int)
    requires Ascending(ws)
    requires ws == [] || Last(ws).start <= now
    ensures Ascending(CountRequest(ws, now))
  {
    var cws := WindowStart(now);
    var w := if ws == [] || Last(ws).start != cws then KeepNewest(ws + [Bucket(cws, 0)]) else ws;
    if ws == [] || Last(ws).start != cws {
      if ws != [] {
        AscendingStartBelow(ws, now);
      }
      OpenAscending(ws, cws);
      KeepNewestAscending(ws + [Bucket(cws, 0)]);
      LastOfKeepNewest(ws + [Bucket(cws, 0)]);
    }
    BumpAscending(w, cws);
    assert CountRequest(ws, now) == w[..|w| - 1] + [Bucket(cws, Last(w).count + 1)];
  }

  /** Opening a bucket for a later second keeps the list ascending. */
  lemma OpenAscending(ws: seq<Bucket>, cws: int)
    requires Ascending(ws) && cws % WindowMs == 0
    requires ws == [] || Last(ws).start < cws
    ensures Ascending(ws + [Bucket(cws, 0)])
  {
    var p := ws + [Bucket(cws, 0)];
    assert forall i :: 0 <= i < |ws| ==> p[i] == ws[i];
  }

  /** A request at a time no earlier than the newest bucket keeps a record
      tidy. */
  lemma StepKeepsTidy(rec: Record, now: int)
    requires Tidy(rec)
    requires rec.windows == [] || Last(rec.windows).start <= now
    ensures Tidy(Step(rec, now).0)
  {
    if !BlockedAt(rec, now) {
      CountRequestAscending(rec.windows, now);
      var cws := WindowStart(now);
      if rec.windows == [] || Last(rec.windows).start != cws {
        NewBucketStartsAtOne(rec.windows, now);
      }
    }
  }

  /** After a request, the newest bucket is no later than the request. */
  lemma StepKeepsClock(rec: Record, now: int)
    requires rec.windows == [] || Last(rec.windows).start <= now
    ensures var after := Step(rec, now).0;
            after.windows == [] || Last(after.windows).start <= now
  {
  }

  /** Pruning an ascending list keeps it ascending and, unless it empties
      it, keeps its newest bucket. */
  lemma {:induction false} RecentAscending(ws: seq<Bucket>, now: int)
    requires Ascending(ws)
    ensures Ascending(Recent(ws, now))
    ensures Recent(ws, now) != [] ==> ws != [] && Last(Recent(ws, now)) == Last(ws)
  {
    if ws != [] {
      var p := ws[..|ws| - 1];
      assert Ascending(p);
      RecentAscending(p, now);
      var rest := Recent(p, now);
      if now - Last(ws).start <= SweepHorizonMs {
        forall i | 0 <= i < |rest|
          ensures rest[i].start < Last(ws).start
        {
          assert rest[i] in rest;
          assert rest[i] in p;
        }
      }
    }
  }

  /** The state of the detector at a time `clock` no earlier than any
      request it has seen. */
  predicate TidyAt(stats: map<string, Record>, clock: int) {
    forall k :: k in stats ==> Tidy(stats[k]) && (stats[k].windows != [] ==> Last(stats[k].windows).start <= clock)
  }

  /** One event the detector sees: a request, or a run of the sweep. */
  datatype Event = Req(key: string, bypassHeader: Option<string>, now: int) | SweepAt(now: int)

  /** The events come in non-decreasing time order, starting at `clock`. */
  predicate InTimeOrder(events: seq<Event>, clock: int) {
    events == [] || (clock <= events[0].now && InTimeOrder(events[1..], events[0].now))
  }

  /** The replies the detector gives to a run of events. */
  function Replies(stats: map<string, Record>, production: bool, events: seq<Event>): seq<Reply>
    decreases |events|
  {
    if events == [] then []
    else match events[0]
      case Req(key, header, now) =>
        var (after, reply) := Request(stats, production, key, header, now);
        [reply] + Replies(after, production, events[1..])
      case SweepAt(now) => Replies(Sweep(stats, now), production, events[1..])
  }

  lemma RequestKeepsTidy(stats: map<string, Record>, production: bool, key: string, header: Option<string>,
                         clock: int, now: int)
    requires TidyAt(stats, clock) && clock <= now
    ensures TidyAt(Request(stats, production, key, header, now).0, now)
    ensures !Request(stats, production, key, header, now).1.Blocking?
  {
    if !TestBypass(production, header) {
      var rec := if key in stats then stats[key] else Fresh;
      assert Tidy(rec) && (rec.windows == [] || Last(rec.windows).start <= now);
      StepKeepsAll(rec, now);
      TidyAtUpdate(stats, key, Step(rec, now).0, clock, now);
    }
  }

  /** A request keeps a record tidy and its newest bucket no later than the
      request, and is not answered with a new block. */
  lemma StepKeepsAll(rec: Record, now: int)
    requires Tidy(rec)
    requires rec.windows == [] || Last(rec.windows).start <= now
    ensures var after := Step(rec, now).0;
            Tidy(after) && (after.windows == [] || Last(after.windows).start <= now)
    ensures !Step(rec, now).1.Blocking?
  {
    StepKeepsTidy(rec, now);
    StepNeverBlocks(rec, now);
    StepKeepsClock(rec, now);
  }

  /** Storing a tidy record at a later clock keeps the map tidy. */
  lemma TidyAtUpdate(stats: map<string, Record>, key: string, after: Record, clock: int, now: int)
    requires TidyAt(stats, clock) && clock <= now
    requires Tidy(after) && (after.windows == [] || Last(after.windows).start <= now)
    ensures TidyAt(stats[key := after], now)
  {
    var r := stats[key := after];
    forall k | k in r
      ensures Tidy(r[k]) && (r[k].windows != [] ==> Last(r[k].windows).start <= now)
    {
      if k != key {
        assert r[k] == stats[k];
      }
    }
  }

  lemma SweepKeepsTidy(stats: map<string, Record>, clock: int, now: int)
    requires TidyAt(stats, clock) && clock <= now
    ensures TidyAt(Sweep(stats, now), now)
  {
    forall k | k in Sweep(stats, now)
      ensures Tidy(Sweep(stats, now)[k])
    {
      RecentAscending(stats[k].windows, now);
    }
  }

  /** As written, no run of requests and sweeps in time order, from any
      tidy state, is ever answered with a new block: the 30-second rule
      never fires, however long the flood lasts. */
  lemma {:induction false} NeverBlocks(stats: map<string, Record>, production: bool, events: seq<Event>, clock: int)
    requires TidyAt(stats, clock) && InTimeOrder(events, clock)
    ensures forall i :: 0 <= i < |Replies(stats, production, events)| ==> !Replies(stats, production, events)[i].Blocking?
    decreases |events|
  {
    if events != [] {
      match events[0]
      case Req(key, header, now) =>
        RequestKeepsTidy(stats, production, key, header, clock, now);
        NeverBlocks(Request(stats, production, key, header, now).0, production, events[1..], now);
      case SweepAt(now) =>
        SweepKeepsTidy(stats, clock, now);
        NeverBlocks(Sweep(stats, now), production, events[1..], now);
    }
  }

  /** From the empty map a fresh process starts with, no run of events in
      time order is ever answered with a new block. */
  lemma FreshGuardNeverBlocks(production: bool, events: seq<Event>)
    requires events != [] && InTimeOrder(events, events[0].now)
    ensures forall r :: r in Replies(map[], production, events) ==> !r.Blocking?
  {
    NeverBlocks(map[], production, events, events[0].now);
  }

  // -----------------------------------------------------------------------
  // The detector as intended
  // -----------------------------------------------------------------------

  /** The streak a request finds under the intended rule: the one running
      in the current second, or the one of the previous second when that
      second was aggressive; a calm or skipped second ends it. */
  function Carried(rec: Record, cws: int): Option<int> {
    if rec.windows != [] && Last(rec.windows).start == cws then rec.firstAggressiveAt
    else if rec.windows != [] && Last(rec.windows).start == cws - WindowMs &&
            Last(rec.windows).count > ThresholdPerSecond then rec.firstAggressiveAt
    else None
  }

  /** One request as the comments of the middleware intend it: a second
      ends the streak only once it is over and was calm (or a second was
      skipped), so the first ten requests of each new second no longer
      reset it.  The rest is as written. */
  function StepIntended(rec: Record, now: int): (Record, Reply) {
    if BlockedAt(rec, now) then
      var remainingMs := rec.blockedUntil - now;
      (rec, Rejected(remainingMs, CeilDiv(remainingMs, 60000)))
    else
      var ws := CountRequest(rec.windows, now);
      var carried := Carried(rec, WindowStart(now));
      var first := if Last(ws).count > ThresholdPerSecond && !IsSet(carried) then Some(now) else carried;
      if IsSet(first) && now - first.value >= SustainDurationMs then
        var ms := BlockMs(rec.strikes);
        (Record(now + ms, ws, first, rec.blockHistory + [BlockEntry(now, ms)], rec.strikes + 1),
         Blocking(ms, rec.strikes + 1))
      else
        (Record(rec.blockedUntil, ws, first, rec.blockHistory, rec.strikes), Passed)
  }

  /** `n` requests from one client at the same instant, under the intended
      rule. */
  function Burst(rec: Record, now: int, n: nat): (Record, seq<Reply>)
    decreases n, 0
  {
    if n == 0 then (rec, [])
    else BurstAfter(StepIntended(rec, now), now, n - 1)
  }

  /** One request's outcome, then `m` more requests at the same instant. */
  function BurstAfter(step: (Record, Reply), now: int, m: nat): (Record, seq<Reply>)
    decreases m, 1
  {
    var rest := Burst(step.0, now, m);
    (rest.0, [step.1] + rest.1)
  }

  /** A flood: `perSecond` requests at the start of each of `seconds`
      consecutive seconds from `start`. */
  function Flood(rec: Record, start: int, seconds: nat, perSecond: nat): (Record, seq<Reply>)
    decreases seconds
  {
    if seconds == 0 then (rec, [])
    else
      var before := Flood(rec, start, seconds - 1, perSecond);
      var burst := Burst(before.0, start + WindowMs * (seconds - 1), perSecond);
      (burst.0, before.1 + burst.1)
  }

  /** The counters and history a flood must not disturb before the block. */
  predicate SameAccount(a: Record, b: Record) {
    a.blockedUntil == b.blockedUntil && a.strikes == b.strikes && a.blockHistory == b.blockHistory
  }

  predicate AllPassed(replies: seq<Reply>) {
    forall i :: 0 <= i < |replies| ==> replies[i] == Passed
  }

  /** Intended rule, a further request in the current second, with any
      running streak younger than 30 s: passed and counted; a streak starts
      when the second turns aggressive and is kept otherwise. */
  lemma StepSameSecond(rec: Record, t: int)
    requires t % WindowMs == 0 && rec.windows != [] && Last(rec.windows).start == t
    requires IsSet(rec.firstAggressiveAt) ==> t - rec.firstAggressiveAt.value < SustainDurationMs
    requires !BlockedAt(rec, t)
    ensures var step := StepIntended(rec, t);
            step.1 == Passed && SameAccount(step.0, rec) &&
            step.0.windows != [] && Last(step.0.windows) == Bucket(t, Last(rec.windows).count + 1) &&
            step.0.firstAggressiveAt ==
              (if Last(rec.windows).count + 1 > ThresholdPerSecond && !IsSet(rec.firstAggressiveAt)
               then Some(t) else rec.firstAggressiveAt)
  {
    assert WindowStart(t) == t;
  }

  /** Intended rule, the first request of a new second: it counts 1, finds
      the carried streak, and is blocked exactly when that streak is 30 s
      old. */
  lemma StepNewSecond(rec: Record, t: int)
    requires t % WindowMs == 0 && (rec.windows == [] || Last(rec.windows).start < t)
    requires !BlockedAt(rec, t)
    ensures var step := StepIntended(rec, t);
            var carried := Carried(rec, t);
            step.0.windows != [] && Last(step.0.windows) == Bucket(t, 1) &&
            if IsSet(carried) && t - carried.value >= SustainDurationMs
            then step.1 == Blocking(BlockMs(rec.strikes), rec.strikes + 1)
            else step.1 == Passed && SameAccount(step.0, rec) && step.0.firstAggressiveAt == carried
  {
    assert WindowStart(t) == t;
    NewBucketStartsAtOne(rec.windows, t);
  }

  /** Requests in the current second while a streak younger than 30 s is
      running: each is passed, counted, and the streak is kept. */
  lemma {:induction false} StreakSecond(rec: Record, t: int, n: nat)
    requires t % WindowMs == 0 && rec.windows != [] && Last(rec.windows).start == t
    requires IsSet(rec.firstAggressiveAt) && t - rec.firstAggressiveAt.value < SustainDurationMs
    requires !BlockedAt(rec, t)
    ensures var burst := Burst(rec, t, n);
            SameAccount(burst.0, rec) && burst.0.firstAggressiveAt == rec.firstAggressiveAt &&
            burst.0.windows != [] && Last(burst.0.windows) == Bucket(t, Last(rec.windows).count + n) &&
            |burst.1| == n && AllPassed(burst.1)
    decreases n
  {
    if n > 0 {
      StepSameSecond(rec, t);
      StreakSecond(StepIntended(rec, t).0, t, n - 1);
    }
  }

  /** Requests in the current second with no streak running: passed and
      counted, and a streak starts at this second exactly when its count
      passes the threshold. */
  lemma {:induction false} RisingSecond(rec: Record, t: int, n: nat)
    requires t > 0 && t % WindowMs == 0 && rec.windows != [] && Last(rec.windows).start == t
    requires rec.firstAggressiveAt.None? && Last(rec.windows).count <= ThresholdPerSecond
    requires !BlockedAt(rec, t)
    ensures var burst := Burst(rec, t, n);
            SameAccount(burst.0, rec) &&
            burst.0.firstAggressiveAt ==
              (if Last(rec.windows).count + n > ThresholdPerSecond then Some(t) else None) &&
            burst.0.windows != [] && Last(burst.0.windows) == Bucket(t, Last(rec.windows).count + n) &&
            |burst.1| == n && AllPassed(burst.1)
    decreases n
  {
    if n > 0 {
      StepSameSecond(rec, t);
      var next := StepIntended(rec, t).0;
      if Last(rec.windows).count + 1 > ThresholdPerSecond {
        StreakSecond(next, t, n - 1);
      } else {
        RisingSecond(next, t, n - 1);
      }
    }
  }

  /** The first second of a flood, after a calm or skipped second: more
      than ten requests start a streak at this second. */
  lemma FloodFirstSecond(rec: Record, t: int, n: nat)
    requires n > ThresholdPerSecond
    requires t > 0 && t % WindowMs == 0 && rec.blockedUntil <= t
    requires rec.windows == [] || Last(rec.windows).start < t - WindowMs
    ensures var burst := Burst(rec, t, n);
            SameAccount(burst.0, rec) && burst.0.firstAggressiveAt == Some(t) &&
            burst.0.windows != [] && Last(burst.0.windows) == Bucket(t, n) &&
            |burst.1| == n && AllPassed(burst.1)
  {
    CalmNewSecond(rec, t);
    BurstHead(rec, t, n);
    RisingFromOne(StepIntended(rec, t).0, t, n - 1);
  }

  /** The first request of a second that follows a calm or skipped one
      finds no streak: passed, counted 1, nothing else changed. */
  lemma CalmNewSecond(rec: Record, t: int)
    requires t > 0 && t % WindowMs == 0 && rec.blockedUntil <= t
    requires rec.windows == [] || Last(rec.windows).start < t - WindowMs
    ensures var step := StepIntended(rec, t);
            step.1 == Passed && SameAccount(step.0, rec) && step.0.firstAggressiveAt == None &&
            step.0.windows != [] && Last(step.0.windows) == Bucket(t, 1)
  {
    StepNewSecond(rec, t);
  }

  /** The first request of a second that follows an aggressive one keeps
      a streak younger than 30 s: passed, counted 1, the streak carried. */
  lemma CarryNewSecond(rec: Record, t: int, start: int)
    requires t % WindowMs == 0 && 0 < start <= t - WindowMs && t - start < SustainDurationMs
    requires rec.blockedUntil <= start && rec.firstAggressiveAt == Some(start)
    requires rec.windows != [] && Last(rec.windows).start == t - WindowMs
    requires Last(rec.windows).count > ThresholdPerSecond
    ensures var step := StepIntended(rec, t);
            step.1 == Passed && SameAccount(step.0, rec) && step.0.firstAggressiveAt == Some(start) &&
            step.0.windows != [] && Last(step.0.windows) == Bucket(t, 1)
  {
    StepNewSecond(rec, t);
  }

  /** A burst whose first request is passed: that reply, then the rest. */
  lemma BurstHead(rec: Record, t: int, n: nat)
    requires n >= 1 && StepIntended(rec, t).1 == Passed
    ensures var rest := Burst(StepIntended(rec, t).0, t, n - 1);
            Burst(rec, t, n).0 == rest.0 && |Burst(rec, t, n).1| == |rest.1| + 1 &&
            (AllPassed(rest.1) ==> AllPassed(Burst(rec, t, n).1))
  {
    var rest := Burst(StepIntended(rec, t).0, t, n - 1);
    if AllPassed(rest.1) {
      PassedCons(rest.1);
    }
  }

  lemma PassedCons(rest: seq<Reply>)
    requires AllPassed(rest)
    ensures AllPassed([Passed] + rest)
  {
  }

  /** The rest of a flood's first second, after its first request. */
  lemma RisingFromOne(next: Record, t: int, m: nat)
    requires t > 0 && t % WindowMs == 0 && next.blockedUntil <= t
    requires next.windows != [] && Last(next.windows) == Bucket(t, 1) && next.firstAggressiveAt == None
    requires m >= ThresholdPerSecond
    ensures var burst := Burst(next, t, m);
            SameAccount(burst.0, next) && burst.0.firstAggressiveAt == Some(t) &&
            burst.0.windows != [] && Last(burst.0.windows) == Bucket(t, m + 1) &&
            |burst.1| == m && AllPassed(burst.1)
  {
    RisingSecond(next, t, m);
  }

  /** The rest of a later second of a flood, after its first request. */
  lemma StreakFromOne(next: Record, t: int, start: int, m: nat)
    requires t % WindowMs == 0 && 0 < start <= t - WindowMs && t - start < SustainDurationMs
    requires next.blockedUntil <= start && next.firstAggressiveAt == Some(start)
    requires next.windows != [] && Last(next.windows) == Bucket(t, 1)
    ensures var burst := Burst(next, t, m);
            SameAccount(burst.0, next) && burst.0.firstAggressiveAt == Some(start) &&
            burst.0.windows != [] && Last(burst.0.windows) == Bucket(t, m + 1) &&
            |burst.1| == m && AllPassed(burst.1)
  {
    StreakSecond(next, t, m);
  }

  /** A later second of a flood, while the streak is younger than 30 s:
      the streak carries over into the new second. */
  lemma FloodNextSecond(rec: Record, t: int, start: int, n: nat)
    requires n >= 1
    requires t % WindowMs == 0 && 0 < start <= t - WindowMs && t - start < SustainDurationMs
    requires rec.blockedUntil <= start && rec.firstAggressiveAt == Some(start)
    requires rec.windows != [] && Last(rec.windows).start == t - WindowMs
    requires Last(rec.windows).count > ThresholdPerSecond
    ensures var burst := Burst(rec, t, n);
            SameAccount(burst.0, rec) && burst.0.firstAggressiveAt == Some(start) &&
            burst.0.windows != [] && Last(burst.0.windows) == Bucket(t, n) &&
            |burst.1| == n && AllPassed(burst.1)
  {
    CarryNewSecond(rec, t, start);
    BurstHead(rec, t, n);
    StreakFromOne(StepIntended(rec, t).0, t, start, n - 1);
  }

  lemma {:induction false} BurstLength(rec: Record, t: int, n: nat)
    ensures |Burst(rec, t, n).1| == n
    decreases n
  {
    if n > 0 {
      BurstLength(StepIntended(rec, t).0, t, n - 1);
    }
  }

  /** A flood of k seconds gets one reply per request. */
  lemma {:induction false} FloodLength(rec: Record, start: int, k: nat, perSecond: nat)
    ensures |Flood(rec, start, k, perSecond).1| == perSecond * k
    decreases k
  {
    if k > 0 {
      FloodLength(rec, start, k - 1, perSecond);
      BurstLength(Flood(rec, start, k - 1, perSecond).0, start + WindowMs * (k - 1), perSecond);
      assert perSecond * k == perSecond * (k - 1) + perSecond;
    }
  }

  /** The state after k seconds of flood, for k up to 30: every request
      passed and a streak running since `start`. */
  lemma {:induction false} FloodSoFar(rec: Record, start: int, k: nat, perSecond: nat)
    requires perSecond > ThresholdPerSecond
    requires start > 0 && start % WindowMs == 0 && rec.blockedUntil <= start
    requires rec.windows == [] || Last(rec.windows).start < start - WindowMs
    requires 1 <= k <= SustainDurationMs / WindowMs
    ensures FloodState(rec, start, k, perSecond, Flood(rec, start, k, perSecond))
    decreases k
  {
    if k == 1 {
      FloodOneSecond(rec, start, perSecond);
    } else {
      FloodSoFar(rec, start, k - 1, perSecond);
      FloodMoreSeconds(rec, start, k, perSecond);
    }
  }

  /** The state after k seconds of flood: the account untouched, every
      request passed, and a streak running since `start`. */
  predicate FloodState(rec: Record, start: int, k: nat, perSecond: nat, flood: (Record, seq<Reply>)) {
    SameAccount(flood.0, rec) && flood.0.firstAggressiveAt == Some(start) &&
    flood.0.windows != [] && Last(flood.0.windows) == Bucket(start + WindowMs * (k - 1), perSecond) &&
    AllPassed(flood.1)
  }

  lemma FloodOneSecond(rec: Record, start: int, perSecond: nat)
    requires perSecond > ThresholdPerSecond
    requires start > 0 && start % WindowMs == 0 && rec.blockedUntil <= start
    requires rec.windows == [] || Last(rec.windows).start < start - WindowMs
    ensures FloodState(rec, start, 1, perSecond, Flood(rec, start, 1, perSecond))
  {
    FloodFirstSecond(rec, start, perSecond);
    assert Flood(rec, start, 1, perSecond) == (Burst(rec, start, perSecond).0, [] + Burst(rec, start, perSecond).1);
  }

  lemma FloodMoreSeconds(rec: Record, start: int, k: nat, perSecond: nat)
    requires perSecond > ThresholdPerSecond
    requires start > 0 && start % WindowMs == 0 && rec.blockedUntil <= start
    requires 2 <= k <= SustainDurationMs / WindowMs
    requires FloodState(rec, start, k - 1, perSecond, Flood(rec, start, k - 1, perSecond))
    ensures FloodState(rec, start, k, perSecond, Flood(rec, start, k, perSecond))
  {
    var prev := Flood(rec, start, k - 1, perSecond);
    var t := start + WindowMs * (k - 1);
    FloodSecondTimes(start, k);
    assert Last(prev.0.windows) == Bucket(t - WindowMs, perSecond);
    var burst := Burst(prev.0, t, perSecond);
    FloodNextSecond(prev.0, t, start, perSecond);
    assert Flood(rec, start, k, perSecond) == (burst.0, prev.1 + burst.1);
    PassedAppend(prev.1, burst.1);
  }

  /** Where the k-th second of a flood lies, for k from 2 to 30. */
  lemma FloodSecondTimes(start: int, k: nat)
    requires start > 0 && start % WindowMs == 0 && 2 <= k <= SustainDurationMs / WindowMs
    ensures var t := start + WindowMs * (k - 1);
            t % WindowMs == 0 && 0 < start <= t - WindowMs && t - start < SustainDurationMs &&
            t - WindowMs == start + WindowMs * (k - 2)
  {
    WholeSecondsLater(start, k - 1);
  }

  /** Whole seconds after a whole second is a whole second. */
  lemma WholeSecondsLater(start: int, j: nat)
    requires start % WindowMs == 0
    ensures (start + WindowMs * j) % WindowMs == 0
  {
    var q := start / WindowMs;
    assert start == WindowMs * q;
    assert start + WindowMs * j == WindowMs * (q + j);
  }

  lemma PassedAppend(a: seq<Reply>, b: seq<Reply>)
    requires AllPassed(a) && AllPassed(b)
    ensures AllPassed(a + b)
  {
    assert forall i :: |a| <= i < |a + b| ==> (a + b)[i] == b[i - |a|];
  }

  /** Replies all passed, then replies that open with `x`. */
  lemma PassedThen(a: seq<Reply>, b: seq<Reply>, x: Reply)
    requires AllPassed(a) && b != [] && b[0] == x
    ensures |a + b| > |a| && AllPassed((a + b)[..|a|]) && (a + b)[|a|] == x
  {
    assert (a + b)[..|a|] == a;
  }

  /** What a prefix of the replies shows, the whole shows too. */
  lemma PrefixShows(shorter: seq<Reply>, longer: seq<Reply>, n: nat)
    requires shorter <= longer && |shorter| > n && AllPassed(shorter[..n])
    ensures |longer| > n && AllPassed(longer[..n]) && longer[n] == shorter[n]
  {
    assert longer[..n] == shorter[..n];
  }

  /** The replies of a shorter flood are a prefix of those of a longer one. */
  lemma {:induction false} FloodPrefix(rec: Record, start: int, m: nat, n: nat, perSecond: nat)
    requires m <= n
    ensures Flood(rec, start, m, perSecond).1 <= Flood(rec, start, n, perSecond).1
    decreases n
  {
    if m < n {
      FloodPrefix(rec, start, m, n - 1, perSecond);
    }
  }

  /** A streak that has lasted 30 s blocks the first request of the next
      second. */
  lemma StreakBlocks(rec: Record, t: int, start: int, perSecond: nat)
    requires perSecond > 0 && t % WindowMs == 0 && t - start == SustainDurationMs && start > 0
    requires rec.blockedUntil <= start && rec.firstAggressiveAt == Some(start)
    requires rec.windows != [] && Last(rec.windows).start == t - WindowMs
    requires Last(rec.windows).count > ThresholdPerSecond
    ensures var replies := Burst(rec, t, perSecond).1;
            replies != [] && replies[0] == Blocking(BlockMs(rec.strikes), rec.strikes + 1)
  {
    StepNewSecond(rec, t);
  }

  /** After 30 seconds of flood, the first request of the next second is
      blocked. */
  lemma FloodBlockedAfter(rec: Record, start: int, k: nat, perSecond: nat)
    requires perSecond > ThresholdPerSecond && k * WindowMs == SustainDurationMs
    requires start > 0 && start % WindowMs == 0 && rec.blockedUntil <= start
    requires rec.windows == [] || Last(rec.windows).start < start - WindowMs
    ensures var replies := Flood(rec, start, k + 1, perSecond).1;
            |replies| > perSecond * k && AllPassed(replies[..perSecond * k]) &&
            replies[perSecond * k] == Blocking(BlockMs(rec.strikes), rec.strikes + 1)
  {
    var before := Flood(rec, start, k, perSecond);
    var t := start + WindowMs * k;
    assert FloodState(rec, start, k, perSecond, before) && |before.1| == perSecond * k by {
      FloodSoFar(rec, start, k, perSecond);
      FloodLength(rec, start, k, perSecond);
    }
    var burst := Burst(before.0, t, perSecond).1;
    assert burst != [] && burst[0] == Blocking(BlockMs(rec.strikes), rec.strikes + 1) by {
      WholeSecondsLater(start, k);
      StreakBlocks(before.0, t, start, perSecond);
    }
    assert Flood(rec, start, k + 1, perSecond).1 == before.1 + burst;
    PassedThen(before.1, burst, Blocking(BlockMs(rec.strikes), rec.strikes + 1));
  }

  /** As intended, more than ten requests a second for more than 30 seconds
      are blocked: every request of the first 30 seconds is passed, and the
      first request of the 31st second is answered with a block of
      BlockMs(strikes). */
  lemma FloodBlocksIntended(rec: Record, start: int, seconds: nat, perSecond: nat)
    requires perSecond > ThresholdPerSecond && seconds > SustainDurationMs / WindowMs
    requires start > 0 && start % WindowMs == 0 && rec.blockedUntil <= start
    requires rec.windows == [] || Last(rec.windows).start < start - WindowMs
    ensures var replies := Flood(rec, start, seconds, perSecond).1;
            var n := perSecond * (SustainDurationMs / WindowMs);
            |replies| > n && AllPassed(replies[..n]) &&
            replies[n] == Blocking(BlockMs(rec.strikes), rec.strikes + 1)
  {
    var k := SustainDurationMs / WindowMs;
    var n := perSecond * k;
    var shorter := Flood(rec, start, k + 1, perSecond).1;
    assert |shorter| > n && AllPassed(shorter[..n]) &&
           shorter[n] == Blocking(BlockMs(rec.strikes), rec.strikes + 1) by {
      FloodBlockedAfter(rec, start, k, perSecond);
    }
    FloodPrefix(rec, start, k + 1, seconds, perSecond);
    PrefixShows(shorter, Flood(rec, start, seconds, perSecond).1, n);
  }
}
