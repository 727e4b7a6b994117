/**
  The tables of internal/db/sql_store.go that scanning uses, one map each, keyed by primary key. Each
  method is one transaction; `now` is the database clock. Rows whose order SQL leaves open (equal
  timestamps) are chosen nondeterministically.
 */
module Store {
  import opened Shield

  const TTL_ALLOW: Time := 4 * HOUR
  const TTL_FLAG: Time := HOUR

  /** How many rows scan_history keeps. */
  const HISTORY_LIMIT: nat := 1000

  datatype CacheRow = CacheRow(
    ecosystem: string,
    name: string,
    version: string,
    verdict: Verdict,
    result: ScanResult,
    scannedAt: Time,
    expiresAt: Time)

  type Cache = map<string, CacheRow>
  type History = map<string, ScanResult>
  type Exceptions = map<string, Exception>

  // ----- scan_cache -----

  function CacheKey(ecosystem: string, name: string, version: string): string {
    ecosystem + ":" + name + ":" + version
  }

  function KeyOf(pkg: PackageRef): string {
    CacheKey(pkg.ecosystem, pkg.name, pkg.version)
  }

  /** How long a verdict is served from the cache: flagged results a quarter as long. */
  function Ttl(verdict: Verdict): Time {
    if verdict.Warn? || verdict.Block? then TTL_FLAG else TTL_ALLOW
  }

  /** The upsert: on a conflict the package columns keep their first values. */
  function Put(cache: Cache, r: ScanResult): Cache {
    var key := KeyOf(r.package);
    var row := CacheRow(r.package.ecosystem, r.package.name, r.package.version,
                        r.verdict, r, r.scannedAt, r.scannedAt + Ttl(r.verdict));
    cache[key := if key in cache then
                   row.(ecosystem := cache[key].ecosystem, name := cache[key].name, version := cache[key].version)
                 else row]
  }

  /** The upsert, column by column. */
  lemma PutIs(before: Cache, r: ScanResult)
    ensures var id := r.package.ecosystem + ":" + r.package.name + ":" + r.package.version;
            var after := Put(before, r);
            && after.Keys == before.Keys + {id}
            && (forall other :: other in after && other != id ==> after[other] == before[other])
            && after[id].result == r && after[id].verdict == r.verdict && after[id].scannedAt == r.scannedAt
            && after[id].expiresAt == r.scannedAt + (if r.verdict == Allow then 4 else 1) * HOUR
            && PackageRef(after[id].ecosystem, after[id].name, after[id].version)
               == if id in before then PackageRef(before[id].ecosystem, before[id].name, before[id].version) else r.package
  {
  }

  function Fetch(cache: Cache, key: string, now: Time): Option<ScanResult> {
    if key in cache && cache[key].expiresAt > now then Some(cache[key].result.(cachedAt := Some(now))) else None
  }

  // ----- scan_history -----

  /** Insert, unless the scan is there already. */
  function Record(history: History, r: ScanResult): History {
    if r.scanId in history then history else history[r.scanId := r]
  }

  /** `kept` holds min(k, |rows|) of the rows, none of them older than a row left out. */
  predicate NewestIds(rows: History, kept: set<string>, k: nat) {
    && kept <= rows.Keys
    && |kept| == (if |rows| < k then |rows| else k)
    && forall a, b :: a in kept && b in rows && b !in kept ==> rows[b].scannedAt <= rows[a].scannedAt
  }

  ghost predicate Newest(rows: History, kept: History, k: nat) {
    NewestIds(rows, kept.Keys, k) && forall id :: id in kept ==> kept[id] == rows[id]
  }

  /** Recording a result and trimming, in terms of rows. */
  lemma TrimmedRecord(before: History, r: ScanResult, after: History, limit: nat)
    requires Newest(Record(before, r), after, limit)
    ensures forall id :: id in after && id in before ==> after[id] == before[id]
    ensures forall id :: id in after && id !in before ==> id == r.scanId && after[id] == r
    ensures |after| == if |before.Keys + {r.scanId}| < limit then |before.Keys + {r.scanId}| else limit
    ensures forall id, gone :: id in after && gone in before && gone !in after ==> before[gone].scannedAt <= after[id].scannedAt
    ensures r.scanId !in before && r.scanId !in after ==> forall id :: id in after ==> r.scannedAt <= after[id].scannedAt
  {
    assert Record(before, r).Keys == before.Keys + {r.scanId};
  }

  function Since(history: History, cutoff: Time): History {
    map id | id in history && cutoff <= history[id].scannedAt :: history[id]
  }

  lemma {:induction false} LatestExists(rows: History, ids: set<string>) returns (latest: string)
    requires ids != {} && ids <= rows.Keys
    ensures latest in ids && forall id :: id in ids ==> rows[id].scannedAt <= rows[latest].scannedAt
    decreases |ids|
  {
    var id :| id in ids;
    latest := id;
    if ids != {id} {
      var other := LatestExists(rows, ids - {id});
      if rows[id].scannedAt < rows[other].scannedAt {
        latest := other;
      }
    }
  }

  lemma OneMoreNewest(rows: History, kept: set<string>, k: nat) returns (more: set<string>)
    requires NewestIds(rows, kept, k) && kept != rows.Keys
    ensures NewestIds(rows, more, k + 1)
  {
    var older := rows.Keys - kept;
    assert rows.Keys == kept + older;
    assert |kept| + |older| == |rows.Keys| && |older| > 0;
    var next := LatestExists(rows, older);
    more := kept + {next};
    assert |more| == k + 1;
    forall a, b | a in more && b in rows && b !in more
      ensures rows[b].scannedAt <= rows[a].scannedAt
    {
      assert b in older && b !in kept;
    }
  }

  lemma {:induction false} NewestExists(rows: History, k: nat)
    ensures exists kept :: NewestIds(rows, kept, k)
  {
    if k == 0 {
      assert NewestIds(rows, {}, 0);
    } else {
      NewestExists(rows, k - 1);
      var kept :| NewestIds(rows, kept, k - 1);
      if kept == rows.Keys {
        assert NewestIds(rows, kept, k);
      } else {
        var more := OneMoreNewest(rows, kept, k - 1);
      }
    }
  }

  // ----- exceptions -----

  predicate Live(e: Exception, now: Time) {
    e.expiresAt.None? || e.expiresAt.value > now
  }

  predicate Matches(e: Exception, ecosystem: string, name: string, version: string) {
    e.ecosystem == ecosystem && e.name == name && (e.version == version || e.version == "")
  }

  /** `a` may come before `b`: an exact version first, then the more recent. */
  predicate Precedes(a: Exception, b: Exception, version: string) {
    if (a.version == version) == (b.version == version) then b.createdAt <= a.createdAt else a.version == version
  }

  ghost predicate HasException(exceptions: Exceptions, ecosystem: string, name: string, version: string, now: Time) {
    exists id :: Candidate(exceptions, id, ecosystem, name, version, now)
  }

  /** The row of a live match. */
  predicate Candidate(exceptions: Exceptions, id: string, ecosystem: string, name: string, version: string, now: Time) {
    id in exceptions && Matches(exceptions[id], ecosystem, name, version) && Live(exceptions[id], now)
  }

  /** The rows for this package, at this version or at any, that have not expired. */
  ghost function Granted(exceptions: Exceptions, ecosystem: string, name: string, version: string, now: Time): set<Exception> {
    set e | e in exceptions.Values
            && e.ecosystem == ecosystem && e.name == name && e.version in {"", version}
            && (e.expiresAt.Some? ==> now < e.expiresAt.value)
  }

  /** The rows GetException considers are the granted ones. */
  lemma CandidatesAreGranted(exceptions: Exceptions, ecosystem: string, name: string, version: string, now: Time)
    ensures forall id :: Candidate(exceptions, id, ecosystem, name, version, now) ==>
                           exceptions[id] in Granted(exceptions, ecosystem, name, version, now)
    ensures forall e :: e in Granted(exceptions, ecosystem, name, version, now) ==>
                          exists id :: Candidate(exceptions, id, ecosystem, name, version, now) && exceptions[id] == e
  {
    forall e | e in Granted(exceptions, ecosystem, name, version, now)
      ensures exists id :: Candidate(exceptions, id, ecosystem, name, version, now) && exceptions[id] == e
    {
      var id :| id in exceptions && exceptions[id] == e;
      assert Candidate(exceptions, id, ecosystem, name, version, now);
    }
  }

  predicate MostRecent(exceptions: Exceptions, ids: set<string>, id: string)
    requires ids <= exceptions.Keys
  {
    id in ids && forall other :: other in ids ==> exceptions[other].createdAt <= exceptions[id].createdAt
  }

  ghost predicate ByRecency(list: seq<Exception>) {
    forall i, j :: 0 <= i < j < |list| ==> list[j].createdAt <= list[i].createdAt
  }

  class SqlStore {
    var cache: Cache
    var history: History
    var exceptions: Exceptions

    constructor ()
      ensures cache == map[] && history == map[] && exceptions == map[]
    {
      cache, history, exceptions := map[], map[], map[];
    }

    method GetCachedResult(ecosystem: string, name: string, version: string, now: Time) returns (r: Option<ScanResult>)
      ensures r == Fetch(cache, CacheKey(ecosystem, name, version), now)
      ensures var id := ecosystem + ":" + name + ":" + version;
              r == if id in cache && now < cache[id].expiresAt then Some(cache[id].result.(cachedAt := Some(now))) else None
    {
      var id := CacheKey(ecosystem, name, version);
      if id !in cache || cache[id].expiresAt <= now {
        return None;
      }
      return Some(cache[id].result.(cachedAt := Some(now)));
    }

    /** SaveResult: cache upsert, history insert and history trim commit together or not at all. */
    method SaveResult(r: ScanResult, commits: bool) returns (ok: bool)
      modifies this`cache, this`history
      ensures ok == commits
      ensures ok ==> cache == Put(old(cache), r) && Newest(Record(old(history), r), history, HISTORY_LIMIT)
      ensures !ok ==> cache == old(cache) && history == old(history)
      ensures ok ==> var id := r.package.ecosystem + ":" + r.package.name + ":" + r.package.version;
                     && cache.Keys == old(cache).Keys + {id}
                     && (forall other :: other in cache && other != id ==> cache[other] == old(cache)[other])
                     && cache[id].result == r && cache[id].verdict == r.verdict && cache[id].scannedAt == r.scannedAt
                     && cache[id].expiresAt == r.scannedAt + (if r.verdict == Allow then 4 else 1) * HOUR
                     && PackageRef(cache[id].ecosystem, cache[id].name, cache[id].version)
                        == if id in old(cache) then PackageRef(old(cache)[id].ecosystem, old(cache)[id].name, old(cache)[id].version)
                           else r.package
      ensures ok ==> forall id :: id in history && id in old(history) ==> history[id] == old(history)[id]
      ensures ok ==> forall id :: id in history && id !in old(history) ==> id == r.scanId && history[id] == r
      ensures ok ==> var sent := |old(history).Keys + {r.scanId}|; |history| == if sent < 1000 then sent else 1000
      ensures ok ==> forall id, gone :: id in history && gone in old(history) && gone !in history ==>
                       old(history)[gone].scannedAt <= history[id].scannedAt
      ensures ok && r.scanId !in old(history) && r.scanId !in history ==>
                forall id :: id in history ==> r.scannedAt <= history[id].scannedAt
    {
      if !commits {
        return false;
      }
      PutIs(cache, r);
      cache := Put(cache, r);
      if r.scanId !in history {
        history := history[r.scanId := r];
      }
      assert history == Record(old(history), r);
      TrimHistory();
      TrimmedRecord(old(history), r, history, HISTORY_LIMIT);
      return true;
    }

    /** The last statement of SaveResult: all but the newest rows go. */
    method TrimHistory()
      modifies this`history
      ensures Newest(old(history), history, HISTORY_LIMIT)
    {
      NewestExists(history, HISTORY_LIMIT);
      var kept :| kept <= history.Keys && NewestIds(history, kept, HISTORY_LIMIT);
      history := map id | id in kept :: history[id];
      assert history.Keys == kept;
    }

    /** PruneHistory: removes what is older than the retention period and says how many rows went. */
    method PruneHistory(retentionDays: nat, now: Time) returns (removed: nat)
      modifies this`history
      ensures history == Since(old(history), now - retentionDays * DAY)
      ensures removed == |old(history)| - |history|
      ensures forall id :: id in history <==>
                           id in old(history) && now <= old(history)[id].scannedAt + retentionDays * 86_400_000_000_000
      ensures forall id :: id in history ==> history[id] == old(history)[id]
    {
      var before := history;
      history := Since(history, now - retentionDays * DAY);
      assert history.Keys <= before.Keys;
      assert |before.Keys - history.Keys| == |before.Keys| - |history.Keys|;
      removed := |before| - |history|;
    }

    /** GetException: the best live match, if there is one. */
    method GetException(ecosystem: string, name: string, version: string, now: Time) returns (best: Option<Exception>)
      ensures best.None? <==> !HasException(exceptions, ecosystem, name, version, now)
      ensures best.Some? ==>
                exists id :: Candidate(exceptions, id, ecosystem, name, version, now) && exceptions[id] == best.value
      ensures best.Some? ==>
                forall id :: Candidate(exceptions, id, ecosystem, name, version, now) ==>
                               Precedes(best.value, exceptions[id], version)
      ensures best.Some? <==> Granted(exceptions, ecosystem, name, version, now) != {}
      ensures best.Some? ==>
                && best.value in Granted(exceptions, ecosystem, name, version, now)
                && forall e :: e in Granted(exceptions, ecosystem, name, version, now) ==>
                     && (e.version == version ==> best.value.version == version)
                     && (e.version == best.value.version ==> e.createdAt <= best.value.createdAt)
    {
      best := None;
      ghost var bestId := "";
      var todo := exceptions.Keys;
      while todo != {}
        invariant todo <= exceptions.Keys
        invariant best.None? ==>
                    forall id :: id !in todo ==> !Candidate(exceptions, id, ecosystem, name, version, now)
        invariant best.Some? ==>
                    Candidate(exceptions, bestId, ecosystem, name, version, now) && exceptions[bestId] == best.value
        invariant best.Some? ==>
                    forall id :: id !in todo && Candidate(exceptions, id, ecosystem, name, version, now) ==>
                                   Precedes(best.value, exceptions[id], version)
        decreases |todo|
      {
        var id :| id in todo;
        if Candidate(exceptions, id, ecosystem, name, version, now)
           && (best.None? || !Precedes(best.value, exceptions[id], version)) {
          best := Some(exceptions[id]);
          bestId := id;
        }
        todo := todo - {id};
      }
      CandidatesAreGranted(exceptions, ecosystem, name, version, now);
    }

    /** ListExceptions: every row, expired ones included, most recent first. */
    method ListExceptions() returns (list: seq<Exception>)
      ensures forall e :: e in list <==> e in exceptions.Values
      ensures |list| == |exceptions| && ByRecency(list)
      ensures forall i, j :: 0 <= i < j < |list| ==> list[i].createdAt >= list[j].createdAt
    {
      list := [];
      var todo := exceptions.Keys;
      while todo != {}
        invariant todo <= exceptions.Keys
        invariant |list| + |todo| == |exceptions|
        invariant forall e :: e in list ==> e in exceptions.Values
        invariant forall id :: id in exceptions && id !in todo ==> exceptions[id] in list
        invariant ByRecency(list)
        invariant forall i, id :: 0 <= i < |list| && id in todo ==> exceptions[id].createdAt <= list[i].createdAt
        decreases |todo|
      {
        MostRecentExists(exceptions, todo);
        var id :| id in todo && MostRecent(exceptions, todo, id);
        list := list + [exceptions[id]];
        todo := todo - {id};
      }
    }

    /** AddException: the primary key must be new. */
    method AddException(e: Exception) returns (ok: bool)
      modifies this`exceptions
      ensures ok <==> e.exceptionId !in old(exceptions)
      ensures exceptions == if ok then old(exceptions)[e.exceptionId := e] else old(exceptions)
    {
      if e.exceptionId in exceptions {
        return false;
      }
      exceptions := exceptions[e.exceptionId := e];
      return true;
    }

    /** DeleteException: deleting a missing exception is an error. */
    method DeleteException(id: string) returns (ok: bool)
      modifies this`exceptions
      ensures ok <==> id in old(exceptions)
      ensures exceptions == old(exceptions) - {id}
    {
      ok := id in exceptions;
      exceptions := exceptions - {id};
    }
  }

  lemma {:induction false} MostRecentExists(exceptions: Exceptions, ids: set<string>)
    requires ids != {} && ids <= exceptions.Keys
    ensures exists id :: MostRecent(exceptions, ids, id)
    decreases |ids|
  {
    var id :| id in ids;
    var rest := ids - {id};
    if rest == {} {
      assert ids == {id};
      assert MostRecent(exceptions, ids, id);
    } else {
      MostRecentExists(exceptions, rest);
      var best :| MostRecent(exceptions, rest, best);
      assert forall other :: other in ids ==> other == id || other in rest;
      assert MostRecent(exceptions, ids, if exceptions[best].createdAt < exceptions[id].createdAt then id else best);
    }
  }

  // ----- the cache and the log of saves -----

  predicate ColonFree(s: string) {
    ':' !in s
  }

  lemma ColonSplitsOnce(a: string, b: string, x: string, y: string)
    requires ColonFree(a) && ColonFree(b) && a + ":" + x == b + ":" + y
    ensures a == b && x == y
  {
    var s := a + ":" + x;
    assert s[|a|] == ':' && s[|b|] == ':';
    assert forall i :: 0 <= i < |a| ==> s[i] == a[i] && a[i] in a;
    assert forall i :: 0 <= i < |b| ==> s[i] == b[i] && b[i] in b;
    assert |a| == |b|;
    assert x == s[|a| + 1..] && y == s[|b| + 1..];
  }

  /** With colon-free ecosystems and names, the cache key identifies the package. */
  lemma KeyIsInjective(p: PackageRef, q: PackageRef)
    requires ColonFree(p.ecosystem) && ColonFree(q.ecosystem) && ColonFree(p.name) && ColonFree(q.name)
    ensures KeyOf(p) == KeyOf(q) <==> p == q
  {
    if KeyOf(p) == KeyOf(q) {
      assert KeyOf(p) == p.ecosystem + ":" + (p.name + ":" + p.version);
      assert KeyOf(q) == q.ecosystem + ":" + (q.name + ":" + q.version);
      ColonSplitsOnce(p.ecosystem, q.ecosystem, p.name + ":" + p.version, q.name + ":" + q.version);
      ColonSplitsOnce(p.name, q.name, p.version, q.version);
    }
  }

  /** Without that, two packages can share a cache row. */
  lemma KeysCollideOnColons()
    ensures KeyOf(PackageRef(NPM, "a:b", "1")) == KeyOf(PackageRef(NPM, "a", "b:1"))
  {
  }

  ghost predicate OwnsKey(p: PackageRef) {
    forall q: PackageRef :: ColonFree(q.ecosystem) && KeyOf(q) == KeyOf(p) ==> q == p
  }

  lemma KeyJoins(ecosystem: string, a: string, b: string, c: string)
    ensures KeyOf(PackageRef(ecosystem, a, b + ":" + c)) == KeyOf(PackageRef(ecosystem, a + ":" + b, c))
  {
    assert ecosystem + ":" + a + ":" + (b + ":" + c) == ecosystem + ":" + (a + ":" + b) + ":" + c;
  }

  lemma SplitAtColon(s: string) returns (a: string, b: string)
    requires !ColonFree(s)
    ensures s == a + ":" + b
  {
    var i :| 0 <= i < |s| && s[i] == ':';
    a, b := s[..i], s[i + 1..];
  }

  /** A package that shares the key of one with a colon in its name or version: the key read at that colon. */
  lemma SharerOf(p: PackageRef) returns (q: PackageRef)
    requires !ColonFree(p.name) || !ColonFree(p.version)
    ensures q != p && q.ecosystem == p.ecosystem && KeyOf(q) == KeyOf(p)
  {
    if !ColonFree(p.name) {
      var a, b := SplitAtColon(p.name);
      KeyJoins(p.ecosystem, a, b, p.version);
      q := PackageRef(p.ecosystem, a, b + ":" + p.version);
      assert |q.name| < |p.name|;
    } else {
      var a, b := SplitAtColon(p.version);
      KeyJoins(p.ecosystem, p.name, a, b);
      q := PackageRef(p.ecosystem, p.name + ":" + a, b);
      assert |p.name| < |q.name|;
    }
  }

  lemma OnlyColonSplits(a: string, b: string, x: string, y: string)
    requires ColonFree(a) && ColonFree(b) && a + ":" + b == x + ":" + y
    ensures a == x && b == y
  {
    var s := a + ":" + b;
    assert s[|x|] == ':' && s == x + ":" + y;
    assert forall i :: 0 <= i < |s| && i != |a| ==> s[i] == (if i < |a| then a[i] else b[i - |a| - 1]) && s[i] != ':';
    assert |x| == |a|;
    assert a == s[..|a|] && x == s[..|x|] && b == s[|a| + 1..] && y == s[|x| + 1..];
  }

  /** Among packages with colon-free ecosystems, a package has its key to itself iff name and version are colon-free. */
  lemma OwnsKeyIff(p: PackageRef)
    requires ColonFree(p.ecosystem)
    ensures OwnsKey(p) <==> ColonFree(p.name) && ColonFree(p.version)
  {
    if ColonFree(p.name) && ColonFree(p.version) {
      forall q: PackageRef | ColonFree(q.ecosystem) && KeyOf(q) == KeyOf(p)
        ensures q == p
      {
        assert KeyOf(p) == p.ecosystem + ":" + (p.name + ":" + p.version);
        assert KeyOf(q) == q.ecosystem + ":" + (q.name + ":" + q.version);
        ColonSplitsOnce(p.ecosystem, q.ecosystem, p.name + ":" + p.version, q.name + ":" + q.version);
        OnlyColonSplits(p.name, p.version, q.name, q.version);
      }
    } else {
      var q := SharerOf(p);
    }
  }

  ghost function SavedCache(log: seq<ScanResult>): Cache {
    if log == [] then map[] else Put(SavedCache(log[..|log| - 1]), log[|log| - 1])
  }

  /** The most recently saved result under a key. */
  ghost function LastSaved(log: seq<ScanResult>, key: string): Option<ScanResult> {
    if log == [] then None
    else if KeyOf(log[|log| - 1].package) == key then Some(log[|log| - 1])
    else LastSaved(log[..|log| - 1], key)
  }

  /** A result as the cache serves it at `now`: stamped, for four hours if it allows and for one if it does not. */
  ghost function Served(saved: Option<ScanResult>, now: Time): Option<ScanResult> {
    if saved.Some? && now - saved.value.scannedAt < (if saved.value.verdict == Allow then 4 else 1) * 3_600_000_000_000 then
      Some(saved.value.(cachedAt := Some(now)))
    else None
  }

  /** Whatever the keys, a lookup serves the last result saved under the key. */
  lemma {:induction false} CacheServesLastSaved(log: seq<ScanResult>, key: string, now: Time)
    ensures Fetch(SavedCache(log), key, now) == Served(LastSaved(log, key), now)
  {
    if log != [] {
      CacheServesLastSaved(log[..|log| - 1], key, now);
    }
  }

  /** The most recently saved result of a package. */
  ghost function LastSavedOf(log: seq<ScanResult>, pkg: PackageRef): Option<ScanResult> {
    if log == [] then None
    else if log[|log| - 1].package == pkg then Some(log[|log| - 1])
    else LastSavedOf(log[..|log| - 1], pkg)
  }

  /** With colon-free ecosystems and names, the cache is the log: each package gets its own last result. */
  lemma {:induction false} CacheRefinesLog(log: seq<ScanResult>, pkg: PackageRef, now: Time)
    requires ColonFree(pkg.ecosystem) && ColonFree(pkg.name)
    requires forall r :: r in log ==> ColonFree(r.package.ecosystem) && ColonFree(r.package.name)
    ensures Fetch(SavedCache(log), KeyOf(pkg), now) == Served(LastSavedOf(log, pkg), now)
  {
    if log != [] {
      KeyIsInjective(log[|log| - 1].package, pkg);
      CacheRefinesLog(log[..|log| - 1], pkg, now);
    }
  }

  /** Whatever was saved, a lookup of the package serves its own last result. */
  ghost predicate AlwaysOwnResult(pkg: PackageRef) {
    forall log: seq<ScanResult>, now :: (forall r :: r in log ==> ColonFree(r.package.ecosystem)) ==>
      Fetch(SavedCache(log), KeyOf(pkg), now) == Served(LastSavedOf(log, pkg), now)
  }

  lemma {:induction false} OwnerGetsOwnResult(log: seq<ScanResult>, pkg: PackageRef, now: Time)
    requires OwnsKey(pkg) && forall r :: r in log ==> ColonFree(r.package.ecosystem)
    ensures Fetch(SavedCache(log), KeyOf(pkg), now) == Served(LastSavedOf(log, pkg), now)
  {
    if log != [] {
      var init, last := log[..|log| - 1], log[|log| - 1];
      assert last in log && forall r :: r in init ==> r in log;
      assert KeyOf(last.package) == KeyOf(pkg) <==> last.package == pkg;
      OwnerGetsOwnResult(init, pkg, now);
    }
  }

  /** For exactly the packages with colon-free name and version, the cache is the log of saves. */
  lemma AlwaysOwnResultIff(pkg: PackageRef)
    requires ColonFree(pkg.ecosystem)
    ensures AlwaysOwnResult(pkg) <==> ColonFree(pkg.name) && ColonFree(pkg.version)
  {
    OwnsKeyIff(pkg);
    if OwnsKey(pkg) {
      forall log: seq<ScanResult>, now | forall r :: r in log ==> ColonFree(r.package.ecosystem)
        ensures Fetch(SavedCache(log), KeyOf(pkg), now) == Served(LastSavedOf(log, pkg), now)
      {
        OwnerGetsOwnResult(log, pkg, now);
      }
    } else {
      var q := SharerOf(pkg);
      var other := ScanResult("scan-1", q, Allow, [], false, 0, None);
      assert [other][..0] == [];
      assert SavedCache([other]) == Put(map[], other);
      assert Fetch(SavedCache([other]), KeyOf(pkg), 0).Some? && LastSavedOf([other], pkg).None?;
    }
  }
}
