/**
  The scan history does not care how results reach it. Reports are retried
  (internal/reporter/reporter.go), so the same result may be saved several times and results may
  overtake one another; the table is trimmed after every save and pruned by age in between
  (internal/db/sql_store.go).
 */
module HistoryRuns {
  import opened Shield
  import opened Store

  datatype Event = Save(r: ScanResult) | Prune(cutoff: Time)

  /** One transaction on the history table, which keeps k rows. Trimming may break ties either way. */
  ghost predicate Step(k: nat, before: History, e: Event, after: History) {
    match e
    case Save(r) => Newest(Record(before, r), after, k)
    case Prune(cutoff) => after == Since(before, cutoff)
  }

  /** The tables an initially empty history goes through. */
  ghost predicate Run(k: nat, tables: seq<History>, events: seq<Event>) {
    && |tables| == |events| + 1
    && if events == [] then tables[0] == map[]
       else
         var n := |events| - 1;
         Run(k, tables[..n + 1], events[..n]) && Step(k, tables[n], events[n], tables[n + 1])
  }

  /** Everything that was ever delivered, each scan once. */
  ghost function Delivered(events: seq<Event>): History {
    if events == [] then map[]
    else
      var before := Delivered(events[..|events| - 1]);
      match events[|events| - 1]
      case Save(r) => Record(before, r)
      case Prune(_) => before
  }

  /** A scan id stands for one result, and no two scans happened at the same instant. */
  ghost predicate Coherent(events: seq<Event>) {
    forall r, q :: Save(r) in events && Save(q) in events && (r.scanId == q.scanId || r.scannedAt == q.scannedAt) ==> r == q
  }

  ghost predicate DistinctTimes(rows: History) {
    forall a, b :: a in rows && b in rows && rows[a].scannedAt == rows[b].scannedAt ==> a == b
  }

  ghost predicate Within(small: History, large: History) {
    forall id :: id in small ==> id in large && small[id] == large[id]
  }

  // ----- the newest k rows of a set -----

  lemma SubsetSize<T>(a: set<T>, b: set<T>)
    requires a <= b
    ensures |a| <= |b| && (|a| == |b| ==> a == b)
  {
    assert |b - a| == |b| - |a|;
  }

  /** With distinct instants there is only one way to keep the newest k rows. */
  lemma NewestIsUnique(rows: History, a: History, b: History, k: nat)
    requires DistinctTimes(rows) && Newest(rows, a, k) && Newest(rows, b, k)
    ensures a == b
  {
    if a.Keys <= b.Keys {
      SubsetSize(a.Keys, b.Keys);
    } else {
      var x :| x in a && x !in b;
      forall y | y in b
        ensures y in a
      {
        var older, newer := rows[x].scannedAt, rows[y].scannedAt;
        assert older <= newer;
        assert y !in a ==> newer <= older;
      }
      SubsetSize(b.Keys, a.Keys);
    }
  }

  /** A row left out, of `rows` or of `kept` plus the new row, is no newer than a row that stayed. */
  lemma StillNoNewer(rows: History, kept: History, r: ScanResult, after: History, k: nat, a: string, b: string)
    requires Newest(rows, kept, k) && Newest(Record(kept, r), after, k)
    requires kept.Keys != rows.Keys && r.scanId !in kept
    requires r.scanId in rows ==> rows[r.scanId] == r
    requires a in after && b in Record(rows, r) && b !in after
    ensures Record(rows, r)[b].scannedAt <= Record(rows, r)[a].scannedAt
  {
    var some := Record(kept, r);
    if b !in some {
      if a !in kept {
        // a is the new row; it displaced a kept row, which is newer than b
        assert a == r.scanId;
        SubsetSize(kept.Keys, rows.Keys);
        assert some.Keys == kept.Keys + {a};
        assert exists displaced :: displaced in kept && displaced !in after by {
          if kept.Keys <= after.Keys {
            SubsetSize(kept.Keys + {a}, after.Keys);
            assert false;
          }
        }
        var displaced :| displaced in kept && displaced !in after;
        assert some[displaced].scannedAt <= some[a].scannedAt;
      }
    }
  }

  lemma NewestAfterNewRow(rows: History, kept: History, r: ScanResult, after: History, k: nat)
    requires Newest(rows, kept, k) && Newest(Record(kept, r), after, k)
    requires kept.Keys != rows.Keys && r.scanId !in kept
    requires r.scanId in rows ==> rows[r.scanId] == r
    ensures NewestIds(Record(rows, r), after.Keys, k)
  {
    var all, some := Record(rows, r), Record(kept, r);
    SubsetSize(kept.Keys, rows.Keys);
    SubsetSize(rows.Keys, all.Keys);
    SubsetSize(kept.Keys, some.Keys);
    assert after.Keys <= all.Keys;
    forall a, b | a in after && b in all && b !in after
      ensures all[b].scannedAt <= all[a].scannedAt
    {
      StillNoNewer(rows, kept, r, after, k, a, b);
    }
  }

  /** Nothing is lost by adding a row to the newest k instead of to all rows. */
  lemma NewestAfterRecord(rows: History, kept: History, r: ScanResult, after: History, k: nat)
    requires Newest(rows, kept, k) && Newest(Record(kept, r), after, k)
    requires r.scanId in rows ==> rows[r.scanId] == r
    ensures Newest(Record(rows, r), after, k)
  {
    if kept.Keys == rows.Keys {
      assert kept == rows;
    } else if r.scanId in kept {
      SubsetSize(after.Keys, kept.Keys);
      assert after == kept;
    } else {
      NewestAfterNewRow(rows, kept, r, after, k);
    }
  }

  /** Keeping the newest rows and dropping those before a cutoff commute. */
  lemma NewestSince(rows: History, kept: History, k: nat, cutoff: Time)
    requires Newest(rows, kept, k)
    ensures Newest(Since(rows, cutoff), Since(kept, cutoff), k)
  {
    var rows', kept' := Since(rows, cutoff), Since(kept, cutoff);
    SubsetSize(kept'.Keys, kept.Keys);
    SubsetSize(kept.Keys, rows.Keys);
    if rows'.Keys <= kept.Keys {
      assert kept' == rows';
    } else {
      // a recent row was left out, so everything kept is recent
      var out :| out in rows' && out !in kept;
      assert forall a :: a in kept ==> rows[out].scannedAt <= rows[a].scannedAt;
      assert kept' == kept;
      SubsetSize(kept'.Keys, rows'.Keys);
    }
  }

  // ----- runs -----

  /** All rows, or those from a cutoff on. */
  ghost function From(cutoff: Option<Time>, rows: History): History {
    match cutoff
    case None => rows
    case Some(c) => Since(rows, c)
  }

  ghost predicate PrunesOnlyBelow(events: seq<Event>, cutoff: Option<Time>) {
    forall c :: Prune(c) in events ==> cutoff.Some? && c <= cutoff.value
  }

  lemma {:induction false} DeliveredWasSaved(events: seq<Event>, id: string)
    requires id in Delivered(events)
    ensures Delivered(events)[id].scanId == id && Save(Delivered(events)[id]) in events
  {
    var last := events[|events| - 1];
    var init := events[..|events| - 1];
    assert last in events && forall e :: e in init ==> e in events;
    if id in Delivered(init) {
      DeliveredWasSaved(init, id);
    }
  }

  lemma {:induction false} SavedIsDelivered(events: seq<Event>, r: ScanResult)
    requires Coherent(events) && Save(r) in events
    ensures r.scanId in Delivered(events) && Delivered(events)[r.scanId] == r
  {
    var last := events[|events| - 1];
    var init := events[..|events| - 1];
    assert forall e :: e in events <==> e in init || e == last;
    if Save(r) in init {
      SavedIsDelivered(init, r);
    } else if r.scanId in Delivered(init) {
      DeliveredWasSaved(init, r.scanId);
    }
  }

  lemma DeliveredHasDistinctTimes(events: seq<Event>)
    requires Coherent(events)
    ensures DistinctTimes(Delivered(events))
  {
    forall a, b | a in Delivered(events) && b in Delivered(events)
      ensures Delivered(events)[a].scannedAt == Delivered(events)[b].scannedAt ==> a == b
    {
      DeliveredWasSaved(events, a);
      DeliveredWasSaved(events, b);
    }
  }

  lemma PrefixIsCoherent(events: seq<Event>, n: nat, cutoff: Option<Time>)
    requires n <= |events| && Coherent(events) && PrunesOnlyBelow(events, cutoff)
    ensures Coherent(events[..n]) && PrunesOnlyBelow(events[..n], cutoff)
  {
    assert forall e :: e in events[..n] ==> e in events;
  }

  /** From the cutoff on, the table is the newest part of everything delivered. */
  ghost predicate Tracks(k: nat, delivered: History, table: History, cutoff: Option<Time>) {
    Within(table, delivered) && Newest(From(cutoff, delivered), From(cutoff, table), k)
  }

  lemma SinceRecord(rows: History, r: ScanResult, c: Time)
    requires r.scanId in rows ==> rows[r.scanId] == r
    ensures Since(Record(rows, r), c) == if c <= r.scannedAt then Record(Since(rows, c), r) else Since(rows, c)
  {
  }

  lemma NewestOfFew(rows: History, kept: History, k: nat)
    requires Newest(rows, kept, k) && |rows| <= k
    ensures kept == rows
  {
    SubsetSize(kept.Keys, rows.Keys);
  }

  lemma SaveKeepsTracking(k: nat, delivered: History, table: History, r: ScanResult, after: History, cutoff: Option<Time>)
    requires r.scanId in delivered ==> delivered[r.scanId] == r
    requires Tracks(k, delivered, table, cutoff) && Newest(Record(table, r), after, k)
    ensures Newest(From(cutoff, Record(delivered, r)), From(cutoff, after), k)
  {
    match cutoff
    case None =>
      NewestAfterRecord(delivered, table, r, after, k);
    case Some(c) =>
      NewestSince(Record(table, r), after, k, c);
      SinceRecord(table, r, c);
      SinceRecord(delivered, r, c);
      if c <= r.scannedAt {
        NewestAfterRecord(Since(delivered, c), Since(table, c), r, Since(after, c), k);
      } else {
        NewestOfFew(Since(table, c), Since(after, c), k);
      }
  }

  lemma PruneKeepsTracking(k: nat, delivered: History, table: History, c: Time, cutoff: Time)
    requires Tracks(k, delivered, table, Some(cutoff)) && c <= cutoff
    ensures Tracks(k, delivered, Since(table, c), Some(cutoff))
  {
    assert Since(Since(table, c), cutoff) == Since(table, cutoff);
  }

  /** An event that fits what was delivered before. */
  ghost predicate Fits(e: Event, delivered: History, cutoff: Option<Time>) {
    match e
    case Save(r) => r.scanId in delivered ==> delivered[r.scanId] == r
    case Prune(c) => cutoff.Some? && c <= cutoff.value
  }

  lemma StepKeepsTracking(k: nat, delivered: History, table: History, e: Event, after: History, cutoff: Option<Time>)
    requires Tracks(k, delivered, table, cutoff) && Step(k, table, e, after) && Fits(e, delivered, cutoff)
    ensures Tracks(k, if e.Save? then Record(delivered, e.r) else delivered, after, cutoff)
  {
    match e
    case Save(r) => SaveKeepsTracking(k, delivered, table, r, after, cutoff);
    case Prune(c) => PruneKeepsTracking(k, delivered, table, c, cutoff.value);
  }

  lemma LastEventFits(events: seq<Event>, cutoff: Option<Time>)
    requires events != [] && Coherent(events) && PrunesOnlyBelow(events, cutoff)
    ensures Fits(events[|events| - 1], Delivered(events[..|events| - 1]), cutoff)
  {
    var init, last := events[..|events| - 1], events[|events| - 1];
    assert last in events && forall e :: e in init ==> e in events;
    if last.Save? && last.r.scanId in Delivered(init) {
      DeliveredWasSaved(init, last.r.scanId);
    }
  }

  /** At or above any bound on the cutoffs used, the table is the newest part of everything delivered. */
  lemma {:induction false} HistoryTracksDeliveries(k: nat, tables: seq<History>, events: seq<Event>, cutoff: Option<Time>)
    requires Run(k, tables, events) && Coherent(events) && PrunesOnlyBelow(events, cutoff)
    ensures Tracks(k, Delivered(events), tables[|events|], cutoff)
    decreases |events|
  {
    if events == [] {
      assert From(cutoff, map[]) == map[];
    } else {
      var n := |events| - 1;
      PrefixIsCoherent(events, n, cutoff);
      HistoryTracksDeliveries(k, tables[..n + 1], events[..n], cutoff);
      LastEventFits(events, cutoff);
      StepKeepsTracking(k, Delivered(events[..n]), tables[n], events[n], tables[n + 1], cutoff);
    }
  }

  /** Without pruning, the history is exactly the newest k of everything delivered, however it came. */
  lemma HistoryIsNewestDelivered(k: nat, tables: seq<History>, events: seq<Event>, newest: History)
    requires Run(k, tables, events) && Coherent(events) && PrunesOnlyBelow(events, None)
    ensures tables[|events|] == newest <==> Newest(Delivered(events), newest, k)
  {
    HistoryTracksDeliveries(k, tables, events, None);
    DeliveredHasDistinctTimes(events);
    if Newest(Delivered(events), newest, k) {
      NewestIsUnique(Delivered(events), tables[|events|], newest, k);
    }
  }

  lemma DeliveredWithin(events: seq<Event>, events': seq<Event>)
    requires Coherent(events') && forall r :: Save(r) in events ==> Save(r) in events'
    ensures Within(Delivered(events), Delivered(events'))
  {
    forall id | id in Delivered(events)
      ensures id in Delivered(events') && Delivered(events)[id] == Delivered(events')[id]
    {
      DeliveredWasSaved(events, id);
      SavedIsDelivered(events', Delivered(events)[id]);
    }
  }

  /** Two histories that were sent the same results, in any order and any number of times, are equal. */
  lemma HistoryIsConfluent(k: nat, tables: seq<History>, events: seq<Event>, tables': seq<History>, events': seq<Event>)
    requires Run(k, tables, events) && Run(k, tables', events')
    requires Coherent(events) && PrunesOnlyBelow(events, None) && PrunesOnlyBelow(events', None)
    requires forall r :: Save(r) in events <==> Save(r) in events'
    ensures tables[|events|] == tables'[|events'|]
  {
    assert Coherent(events');
    DeliveredWithin(events, events');
    DeliveredWithin(events', events);
    assert Delivered(events) == Delivered(events');
    HistoryTracksDeliveries(k, tables', events', None);
    HistoryIsNewestDelivered(k, tables, events, tables'[|events'|]);
  }

  /** With pruning in between, that still holds of every row at or above the highest cutoff used. */
  lemma PrunedHistoryAgrees(k: nat, tables: seq<History>, events: seq<Event>, cutoff: Time, newest: History)
    requires Run(k, tables, events) && Coherent(events) && PrunesOnlyBelow(events, Some(cutoff))
    requires Newest(Delivered(events), newest, k)
    ensures Since(tables[|events|], cutoff) == Since(newest, cutoff)
  {
    HistoryTracksDeliveries(k, tables, events, Some(cutoff));
    DeliveredHasDistinctTimes(events);
    NewestSince(Delivered(events), newest, k, cutoff);
    NewestIsUnique(Since(Delivered(events), cutoff), Since(tables[|events|], cutoff), Since(newest, cutoff), k);
  }

  // ----- which result stays under a scan id -----

  /** Event `i` put the row of `id` there, and it has been the same ever since. */
  ghost predicate StaysSince(tables: seq<History>, events: seq<Event>, id: string, i: int)
    requires |tables| == |events| + 1
  {
    && 0 <= i < |events| && id !in tables[i] && events[i].Save? && events[i].r.scanId == id
    && forall n :: i < n <= |events| ==> id in tables[n] && tables[n][id] == events[i].r
  }

  /** A row in the table after a step was there before, or is the result just sent. */
  lemma StepKeepsRow(k: nat, before: History, e: Event, after: History, id: string)
    requires Step(k, before, e, after) && id in after
    ensures if id in before then after[id] == before[id] else e == Save(after[id]) && after[id].scanId == id
  {
  }

  lemma StaysOneMore(tables: seq<History>, events: seq<Event>, id: string, i: int)
    requires |tables| == |events| + 1 && events != []
    requires var n := |events| - 1;
             && StaysSince(tables[..n + 1], events[..n], id, i)
             && id in tables[n + 1] && id in tables[n] && tables[n + 1][id] == tables[n][id]
    ensures StaysSince(tables, events, id, i)
  {
    var n := |events| - 1;
    var init := tables[..n + 1];
    assert forall m :: 0 <= m <= n ==> init[m] == tables[m];
    assert events[..n][i] == events[i];
    assert tables[n][id] == init[n][id] == events[i].r;
  }

  /**
    Over every run, whatever is sent under one id, trimmed or pruned: a row is a result that was sent while
    there was none under its id, and later results under that id never touch it.
   */
  lemma {:induction false} RowsNeverChange(k: nat, tables: seq<History>, events: seq<Event>, id: string)
    requires Run(k, tables, events) && id in tables[|events|]
    ensures exists i :: StaysSince(tables, events, id, i)
    decreases |events|
  {
    var n := |events| - 1;
    if id in tables[n] {
      RowsNeverChange(k, tables[..n + 1], events[..n], id);
      var i :| StaysSince(tables[..n + 1], events[..n], id, i);
      StepKeepsRow(k, tables[n], events[n], tables[n + 1], id);
      StaysOneMore(tables, events, id, i);
    } else {
      StepKeepsRow(k, tables[n], events[n], tables[n + 1], id);
      assert StaysSince(tables, events, id, n);
    }
  }

  ghost function SentIds(events: seq<Event>): set<string> {
    set e | e in events && e.Save? :: e.r.scanId
  }

  ghost predicate FirstSentAt(events: seq<Event>, r: ScanResult, i: int) {
    && 0 <= i < |events| && events[i] == Save(r)
    && forall j :: 0 <= j < i && events[j].Save? ==> events[j].r.scanId != r.scanId
  }

  /** No other result was sent under the scan id before `r`. */
  ghost predicate FirstSent(events: seq<Event>, r: ScanResult) {
    exists i :: FirstSentAt(events, r, i)
  }

  lemma FirstSentGrows(events: seq<Event>, r: ScanResult)
    requires events != []
    ensures var init, last := events[..|events| - 1], events[|events| - 1];
            FirstSent(events, r) <==> FirstSent(init, r) || (last == Save(r) && r.scanId !in SentIds(init))
  {
    var init, last := events[..|events| - 1], events[|events| - 1];
    if FirstSent(init, r) {
      var i :| FirstSentAt(init, r, i);
      assert FirstSentAt(events, r, i);
    }
    if last == Save(r) && r.scanId !in SentIds(init) {
      forall j | 0 <= j < |init| && events[j].Save?
        ensures events[j].r.scanId != r.scanId
      {
        assert events[j] == init[j] && init[j] in init;
      }
      assert FirstSentAt(events, r, |init|);
    }
    if FirstSent(events, r) {
      var i :| FirstSentAt(events, r, i);
      if i < |init| {
        assert FirstSentAt(init, r, i);
      } else {
        assert forall e :: e in init ==> exists j :: 0 <= j < |init| && events[j] == e;
      }
    }
  }

  lemma SentIdsGrow(events: seq<Event>)
    requires events != []
    ensures var init, last := events[..|events| - 1], events[|events| - 1];
            SentIds(events) == SentIds(init) + if last.Save? then {last.r.scanId} else {}
  {
    var init, last := events[..|events| - 1], events[|events| - 1];
    assert events == init + [last];
    assert forall e :: e in events <==> e in init || e == last;
  }

  /**
    While the table is large enough for all of them and nothing is pruned, it holds exactly the first result
    sent under each scan id, even if the results sent under one id differ.
   */
  lemma {:induction false} FirstReportWins(k: nat, tables: seq<History>, events: seq<Event>)
    requires Run(k, tables, events) && PrunesOnlyBelow(events, None) && |SentIds(events)| <= k
    ensures tables[|events|].Keys == SentIds(events)
    ensures forall r: ScanResult :: r.scanId in tables[|events|] && tables[|events|][r.scanId] == r <==> FirstSent(events, r)
    decreases |events|
  {
    if events != [] {
      var n := |events| - 1;
      PrefixSendsLess(events, k);
      FirstReportWins(k, tables[..n + 1], events[..n]);
      OneMoreReport(k, tables[n], events, tables[n + 1]);
    }
  }

  lemma PrefixSendsLess(events: seq<Event>, k: nat)
    requires events != [] && PrunesOnlyBelow(events, None) && |SentIds(events)| <= k
    ensures var init := events[..|events| - 1];
            PrunesOnlyBelow(init, None) && |SentIds(init)| <= k
  {
    var init := events[..|events| - 1];
    SentIdsGrow(events);
    SubsetSize(SentIds(init), SentIds(events));
    assert forall e :: e in init ==> e in events;
  }

  /** The table holds exactly the first results sent. */
  ghost predicate HoldsFirst(table: History, events: seq<Event>) {
    && table.Keys == SentIds(events)
    && forall r: ScanResult :: r.scanId in table && table[r.scanId] == r <==> FirstSent(events, r)
  }

  lemma OneMoreReport(k: nat, before: History, events: seq<Event>, after: History)
    requires events != [] && PrunesOnlyBelow(events, None) && |SentIds(events)| <= k
    requires HoldsFirst(before, events[..|events| - 1]) && Step(k, before, events[|events| - 1], after)
    ensures HoldsFirst(after, events)
  {
    var last := events[|events| - 1];
    assert last in events;
    SentIdsGrow(events);
    assert last.Save?;
    assert Record(before, last.r).Keys == SentIds(events);
    NewestOfFew(Record(before, last.r), after, k);
    forall r: ScanResult
      ensures r.scanId in after && after[r.scanId] == r <==> FirstSent(events, r)
    {
      FirstSentGrows(events, r);
    }
  }

  // ----- results of one scan that differ in their stamps -----

  /** A result served from the cache is the saved one, stamped with the time of the lookup. */
  function Unstamped(r: ScanResult): ScanResult {
    r.(cachedAt := None)
  }

  function UnstampedRows(rows: History): History {
    map id | id in rows :: Unstamped(rows[id])
  }

  function UnstampedTables(tables: seq<History>): seq<History> {
    seq(|tables|, i requires 0 <= i < |tables| => UnstampedRows(tables[i]))
  }

  function UnstampedEvents(events: seq<Event>): seq<Event> {
    seq(|events|, i requires 0 <= i < |events| =>
      if events[i].Save? then Save(Unstamped(events[i].r)) else events[i])
  }

  lemma StepWithoutStamps(k: nat, before: History, e: Event, after: History)
    requires Step(k, before, e, after)
    ensures Step(k, UnstampedRows(before), if e.Save? then Save(Unstamped(e.r)) else e, UnstampedRows(after))
  {
    match e
    case Save(r) =>
      var rows := Record(before, r);
      assert UnstampedRows(rows) == Record(UnstampedRows(before), Unstamped(r));
      assert UnstampedRows(rows).Keys == rows.Keys && UnstampedRows(after).Keys == after.Keys;
      assert |UnstampedRows(rows)| == |UnstampedRows(rows).Keys| == |rows.Keys| == |rows|;
    case Prune(cutoff) =>
  }

  /** Stamps influence nothing: without them, a run is a run. */
  lemma {:induction false} RunWithoutStamps(k: nat, tables: seq<History>, events: seq<Event>)
    requires Run(k, tables, events)
    ensures Run(k, UnstampedTables(tables), UnstampedEvents(events))
    decreases |events|
  {
    if events != [] {
      var n := |events| - 1;
      RunWithoutStamps(k, tables[..n + 1], events[..n]);
      StepWithoutStamps(k, tables[n], events[n], tables[n + 1]);
      assert UnstampedTables(tables)[..n + 1] == UnstampedTables(tables[..n + 1]);
      assert UnstampedEvents(events)[..n] == UnstampedEvents(events[..n]);
    }
  }

  /**
    A result that a proxy serves from its cache is reported again under its scan id, stamped. Histories that
    were sent the same results up to such stamps are equal up to them.
   */
  lemma HistoryIsConfluentUpToStamps(k: nat, tables: seq<History>, events: seq<Event>, tables': seq<History>, events': seq<Event>)
    requires Run(k, tables, events) && Run(k, tables', events')
    requires Coherent(UnstampedEvents(events)) && PrunesOnlyBelow(events, None) && PrunesOnlyBelow(events', None)
    requires forall r :: Save(r) in UnstampedEvents(events) <==> Save(r) in UnstampedEvents(events')
    ensures UnstampedRows(tables[|events|]) == UnstampedRows(tables'[|events'|])
  {
    RunWithoutStamps(k, tables, events);
    RunWithoutStamps(k, tables', events');
    NoPrunesWithoutStamps(events);
    NoPrunesWithoutStamps(events');
    HistoryIsConfluent(k, UnstampedTables(tables), UnstampedEvents(events), UnstampedTables(tables'), UnstampedEvents(events'));
  }

  lemma NoPrunesWithoutStamps(events: seq<Event>)
    requires PrunesOnlyBelow(events, None)
    ensures PrunesOnlyBelow(UnstampedEvents(events), None)
  {
    forall c
      ensures Prune(c) !in UnstampedEvents(events)
    {
      assert Prune(c) !in events;
    }
  }
}
